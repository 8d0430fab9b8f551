/** `DashboardController`: the admin or student dashboard of the signed-in
    user, with the fixed demonstration course table. */
module DashboardController {
  import opened Wrappers
  import opened JavaString
  import opened Entities

  /** `createCourseInfo`'s two-entry map. */
  type CourseInfo = map<string, string>

  type CoursesData = map<string, CourseInfo>

  /** A value of the dashboard's JSON object. */
  datatype DashValue = Text(text: Option<string>) | Semester(semester: Option<int32>) | Courses(courses: CoursesData)

  datatype DashboardResponse = UserNotFound | Dashboard(fields: map<string, DashValue>)

  /** `createCourseInfo`: exactly a name and an instructor. */
  function CreateCourseInfo(courseName: string, instructor: string): (r: CourseInfo)
    ensures r.Keys == {"name", "instructor"}
    ensures r["name"] == courseName && r["instructor"] == instructor
  {
    map["name" := courseName, "instructor" := instructor]
  }

  /** Null-safe `"x".equalsIgnoreCase(d)` and `"x".equals(b)`. */
  predicate DepartmentIs(department: Option<string>, name: string) {
    department.Some? && EqualsIgnoreCase(name, department.value)
  }

  predicate BatchIs(batchYear: Option<string>, year: string) {
    batchYear == Some(year)
  }

  /** `generateCoursesData`: the demonstration courses by department
      (ignoring case) and batch year (exactly "23" or "24"). */
  function GenerateCoursesData(batchYear: Option<string>, department: Option<string>): (r: CoursesData)
    ensures forall code :: code in r ==> r[code].Keys == {"name", "instructor"}
    ensures DepartmentIs(department, "cseds") && BatchIs(batchYear, "23") ==> r.Keys == {"DSA", "OS", "DBMS"}
    ensures DepartmentIs(department, "cseds") && BatchIs(batchYear, "24") ==> r.Keys == {"PF", "DM"}
    ensures DepartmentIs(department, "cseai") && BatchIs(batchYear, "23") ==> r.Keys == {"AI", "ML"}
    ensures DepartmentIs(department, "cseai") && BatchIs(batchYear, "24") ==> r.Keys == {"PF", "DL"}
    ensures DepartmentIs(department, "mech") && BatchIs(batchYear, "23") ==> r.Keys == {"TF", "FM"}
    ensures DepartmentIs(department, "mech") && BatchIs(batchYear, "24") ==> r.Keys == {"EM", "MS"}
    ensures (!(DepartmentIs(department, "cseds") || DepartmentIs(department, "cseai") || DepartmentIs(department, "mech"))
             || !(BatchIs(batchYear, "23") || BatchIs(batchYear, "24"))) ==> r == map[]
  {
    DepartmentsExclusive(department);
    if DepartmentIs(department, "cseds") then
      if BatchIs(batchYear, "23") then
        map["DSA" := CreateCourseInfo("Data Structures and Algorithms", "Prof. Smith"),
            "OS" := CreateCourseInfo("Operating Systems", "Prof. Johnson"),
            "DBMS" := CreateCourseInfo("Database Management Systems", "Prof. Davis")]
      else if BatchIs(batchYear, "24") then
        map["PF" := CreateCourseInfo("Programming Fundamentals", "Prof. Wilson"),
            "DM" := CreateCourseInfo("Discrete Mathematics", "Prof. Brown")]
      else map[]
    else if DepartmentIs(department, "cseai") then
      if BatchIs(batchYear, "23") then
        map["AI" := CreateCourseInfo("Artificial Intelligence", "Prof. Roberts"),
            "ML" := CreateCourseInfo("Machine Learning", "Prof. Lewis")]
      else if BatchIs(batchYear, "24") then
        map["PF" := CreateCourseInfo("Programming Fundamentals", "Prof. Wilson"),
            "DL" := CreateCourseInfo("Deep Learning Basics", "Prof. Garcia")]
      else map[]
    else if DepartmentIs(department, "mech") then
      if BatchIs(batchYear, "23") then
        map["TF" := CreateCourseInfo("Thermodynamics", "Prof. Anderson"),
            "FM" := CreateCourseInfo("Fluid Mechanics", "Prof. Martin")]
      else if BatchIs(batchYear, "24") then
        map["EM" := CreateCourseInfo("Engineering Mechanics", "Prof. Thompson"),
            "MS" := CreateCourseInfo("Material Science", "Prof. White")]
      else map[]
    else map[]
  }

  /** The three department names are distinct even ignoring case, so at
      most one branch applies. */
  lemma DepartmentsExclusive(department: Option<string>)
    ensures !(DepartmentIs(department, "cseds") && DepartmentIs(department, "cseai"))
    ensures !(DepartmentIs(department, "cseds") && DepartmentIs(department, "mech"))
    ensures !(DepartmentIs(department, "cseai") && DepartmentIs(department, "mech"))
  {
    if department.Some? {
      assert ToLower("cseds") == "cseds" && ToLower("cseai") == "cseai" && ToLower("mech") == "mech";
    }
  }

  /** The entries every dashboard starts with: name, email and its type. */
  function BaseFields(u: User, kind: string): (m: map<string, DashValue>)
    ensures m.Keys == {"name", "email", "dashboardType"}
    ensures m["name"] == Text(Some(u.name)) && m["email"] == Text(Some(u.email))
    ensures m["dashboardType"] == Text(Some(kind))
  {
    map["name" := Text(Some(u.name)), "email" := Text(Some(u.email)), "dashboardType" := Text(Some(kind))]
  }

  /** The admin dashboard: name, email, type and the welcome message. */
  function AdminFields(u: User): (m: map<string, DashValue>)
    ensures m.Keys == {"name", "email", "dashboardType", "message"}
    ensures m["name"] == Text(Some(u.name)) && m["email"] == Text(Some(u.email))
    ensures m["dashboardType"] == Text(Some("admin"))
    ensures m["message"] == Text(Some("Welcome to the Admin Dashboard"))
  {
    BaseFields(u, "admin")["message" := Text(Some("Welcome to the Admin Dashboard"))]
  }

  /** The student's group, batch year and department, echoed as stored. */
  function CohortFields(u: User): (m: map<string, DashValue>)
    ensures m.Keys == {"name", "email", "dashboardType", "userGroup", "batchYear", "department"}
    ensures m["name"] == Text(Some(u.name)) && m["email"] == Text(Some(u.email))
    ensures m["dashboardType"] == Text(Some("student"))
    ensures m["userGroup"] == Text(u.userGroup)
    ensures m["batchYear"] == Text(u.batchYear)
    ensures m["department"] == Text(u.department)
  {
    BaseFields(u, "student")["userGroup" := Text(u.userGroup)]["batchYear" := Text(u.batchYear)]
                            ["department" := Text(u.department)]
  }

  /** The cohort fields plus the stored semester and its date range. */
  function TermFields(u: User): (m: map<string, DashValue>)
    ensures m.Keys == {"name", "email", "dashboardType", "userGroup", "batchYear", "department",
                       "currentSemester", "semesterDateRange"}
    ensures m["name"] == Text(Some(u.name)) && m["email"] == Text(Some(u.email))
    ensures m["dashboardType"] == Text(Some("student"))
    ensures m["userGroup"] == Text(u.userGroup)
    ensures m["batchYear"] == Text(u.batchYear)
    ensures m["department"] == Text(u.department)
    ensures m["currentSemester"] == Semester(u.currentSemester)
    ensures m["semesterDateRange"] == Text(u.semesterDateRange)
  {
    CohortFields(u)["currentSemester" := Semester(u.currentSemester)]
                   ["semesterDateRange" := Text(u.semesterDateRange)]
  }

  /** The student dashboard: the account's own cohort fields, echoed as
      stored (null included), and the course table of its batch and
      department. */
  function StudentFields(u: User): (m: map<string, DashValue>)
    ensures m.Keys == {"name", "email", "dashboardType", "userGroup", "batchYear", "department",
                       "currentSemester", "semesterDateRange", "courses"}
    ensures m["name"] == Text(Some(u.name)) && m["email"] == Text(Some(u.email))
    ensures m["dashboardType"] == Text(Some("student"))
    ensures m["userGroup"] == Text(u.userGroup)
    ensures m["batchYear"] == Text(u.batchYear)
    ensures m["department"] == Text(u.department)
    ensures m["currentSemester"] == Semester(u.currentSemester)
    ensures m["semesterDateRange"] == Text(u.semesterDateRange)
    ensures m["courses"] == Courses(GenerateCoursesData(u.batchYear, u.department))
  {
    TermFields(u)["courses" := Courses(GenerateCoursesData(u.batchYear, u.department))]
  }

  /** `getDashboardData`: an unknown user is a bad request; an admin gets
      the admin dashboard; a student gets the student dashboard. */
  function GetDashboardData(user: Option<User>): (r: DashboardResponse)
    ensures user.None? <==> r == UserNotFound
    ensures user.Some? && user.value.role == ADMIN ==> r == Dashboard(AdminFields(user.value))
    ensures user.Some? && user.value.role == USER ==> r == Dashboard(StudentFields(user.value))
  {
    match user
    case None => UserNotFound
    case Some(u) => if u.role == ADMIN then Dashboard(AdminFields(u)) else Dashboard(StudentFields(u))
  }
}
