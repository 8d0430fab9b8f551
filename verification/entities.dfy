/** The persistent records of the portal, as immutable values. A Java field
    that the code tests for null is an `Option`; the others are plain. */
module Entities {
  import opened Wrappers
  import opened JavaString

  datatype Role = ADMIN | USER

  /** A registered account. Students carry their group ("bt23cseds"), batch
      year ("23"), department ("cseds"), semester and its date range; an admin
      leaves them unset. */
  datatype User = User(
    name: string,
    email: string,
    password: string,
    role: Role,
    userGroup: Option<string>,
    batchYear: Option<string>,
    department: Option<string>,
    currentSemester: Option<int32>,
    semesterDateRange: Option<string>)

  datatype Course = Course(
    id: string,
    courseCode: string,
    courseName: string,
    instructor: string,
    description: string,
    department: string,
    semester: int32,
    batchYear: string)

  /** An uploaded file's metadata; `filePath` holds the public object-store URL. */
  datatype StudyMaterial = StudyMaterial(
    id: string,
    title: string,
    description: string,
    fileName: Option<string>,
    fileType: Option<string>,
    filePath: string,
    courseId: string,
    uploadedBy: string)

  datatype McqOption = McqOption(option: string, correct: bool)

  /** A generated question exactly as the model's JSON reply described it:
      nothing checks the number of options or of correct ones. */
  datatype McqQuestion = McqQuestion(question: string, options: seq<McqOption>, explanation: string)
}
