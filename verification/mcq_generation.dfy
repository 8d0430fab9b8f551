/** `generateMcqQuestions`: the course lookup, the previous-year-paper
    selection and aggregation, the prompt, the model call and the cut to the
    requested count. The chat model and the JSON reader are parameters. */
module McqGeneration {
  import opened Wrappers
  import opened JavaString
  import opened Entities
  import ReferenceContext
  import PromptBuilder
  import StudyMaterialService

  datatype McqRequest = McqRequest(courseId: string, topics: seq<string>, numberOfQuestions: int32)

  /** The exceptions the service lets escape. */
  datatype GenerationError = CourseNotFound | ModelCallFailed | ParseFailed | InvalidCount

  /** What the service works with: the course and material repositories,
      the paper text extractor, the chat model (system and user message to
      reply text; None when the call throws), the JSON reader (None when
      Jackson throws) and the fixed prompt texts, which in the service are
      `PromptBuilder.SOURCE_TEMPLATE` (see `ServicePrompt`). */
  datatype Collaborators = Collaborators(
    courses: map<string, Course>,
    materials: StudyMaterialService.Store,
    extract: ReferenceContext.Extractor,
    chat: (string, string) -> Option<string>,
    parse: string -> Option<seq<McqQuestion>>,
    template: PromptBuilder.Template)

  const USER_PREAMBLE := "Generate MCQs according to the requirements above, focusing on the specified topics: "

  function TopicList(topics: seq<string>): string {
    Join(", ", topics)
  }

  function UserMessage(topics: seq<string>): string {
    USER_PREAMBLE + TopicList(topics)
  }

  /** The course's previous-year papers, in listing order. */
  function Papers(req: McqRequest, env: Collaborators): seq<StudyMaterial> {
    ReferenceContext.PreviousYearPapers(StudyMaterialService.MaterialsByCourse(env.materials, req.courseId))
  }

  /** The aggregated paper text, left empty when there are no papers. */
  function PapersContent(req: McqRequest, env: Collaborators): string {
    var papers := Papers(req, env);
    if |papers| == 0 then "" else ReferenceContext.ExtractContentFromPreviousPapers(papers, env.extract)
  }

  function SystemMessage(req: McqRequest, env: Collaborators, course: Course): string {
    PromptBuilder.Layout(env.template, course.courseName, course.courseCode, TopicList(req.topics),
                         req.numberOfQuestions, |Papers(req, env)| > 0, PapersContent(req, env))
  }

  /** With the service's own texts, the system message is `createSystemPrompt`
      of the course, the joined topics and the aggregated paper text. */
  lemma ServicePrompt(req: McqRequest, env: Collaborators, course: Course)
    requires env.template == PromptBuilder.SOURCE_TEMPLATE
    ensures SystemMessage(req, env, course)
         == PromptBuilder.CreateSystemPrompt(course.courseName, course.courseCode, Join(", ", req.topics),
                                             req.numberOfQuestions, |Papers(req, env)| > 0, PapersContent(req, env))
  {
    var papers, content := |Papers(req, env)| > 0, PapersContent(req, env);
    PromptBuilder.CreateSystemPromptIsLayout(course.courseName, course.courseCode, Join(", ", req.topics),
                                             req.numberOfQuestions, papers, content);
  }

  /** `questions.subList(0, n)` when the list is longer than `n`; a negative
      `n` makes `subList` throw. */
  function Truncate(qs: seq<McqQuestion>, n: int32): (r: Result<seq<McqQuestion>, GenerationError>)
    ensures n >= 0 <==> r.Ok?
    ensures r.Ok? ==> |r.value| == (if |qs| < n then |qs| else n) && r.value == qs[..|r.value|]
  {
    if |qs| > n then
      if n < 0 then Err(InvalidCount) else Ok(qs[..n])
    else Ok(qs)
  }

  /** `generateMcqQuestions`. An unknown course fails before the model is
      asked; the raw reply (not its repaired form, which is only logged) is
      what the reader parses; the result is the prefix of the parsed list of
      length min(parsed, requested). */
  function GenerateMcqQuestions(req: McqRequest, env: Collaborators): (r: Result<seq<McqQuestion>, GenerationError>)
    ensures req.courseId !in env.courses ==> r == Err(CourseNotFound)
    ensures req.courseId in env.courses ==>
      var reply := env.chat(SystemMessage(req, env, env.courses[req.courseId]), UserMessage(req.topics));
      && (reply.None? ==> r == Err(ModelCallFailed))
      && (reply.Some? && env.parse(reply.value).None? ==> r == Err(ParseFailed))
      && (reply.Some? && env.parse(reply.value).Some? ==>
            var qs := env.parse(reply.value).value;
            && (r.Ok? <==> req.numberOfQuestions >= 0)
            && (r.Ok? ==> r.value == qs[..if |qs| < req.numberOfQuestions then |qs| else req.numberOfQuestions]))
  {
    if req.courseId !in env.courses then Err(CourseNotFound)
    else
      var course := env.courses[req.courseId];
      var reply := env.chat(SystemMessage(req, env, course), UserMessage(req.topics));
      if reply.None? then Err(ModelCallFailed)
      else
        var parsed := env.parse(reply.value);
        if parsed.None? then Err(ParseFailed)
        else Truncate(parsed.value, req.numberOfQuestions)
  }

  /** The system message names the requested count, the course and the
      joined topics, and carries the papers block exactly when some paper
      was found (even when none of them contributed text), or else the
      no-papers note. */
  lemma SystemMessageContents(req: McqRequest, env: Collaborators, course: Course)
    ensures var s := SystemMessage(req, env, course);
      && PromptBuilder.OccursIn(s, IntToString(req.numberOfQuestions))
      && PromptBuilder.OccursIn(s, course.courseName)
      && PromptBuilder.OccursIn(s, course.courseCode)
      && PromptBuilder.OccursIn(s, Join(", ", req.topics))
      && (|Papers(req, env)| > 0 ==>
            PromptBuilder.OccursIn(s, PromptBuilder.Block(env.template, ReferenceContext.ExtractContentFromPreviousPapers(Papers(req, env), env.extract))))
      && (|Papers(req, env)| == 0 ==> PromptBuilder.OccursIn(s, env.template.noPapersNote))
  {
  }

  /** A course whose only material is a paper of an unsupported type still
      gets the papers block, with empty content. */
  lemma SkippedPaperStillGivesBlock(req: McqRequest, env: Collaborators, course: Course, m: StudyMaterial)
    requires env.materials == [m] && m.courseId == req.courseId
    requires ReferenceContext.IsPreviousYearPaper(m) && m.fileType == Some("docx")
    ensures PromptBuilder.OccursIn(SystemMessage(req, env, course), PromptBuilder.Block(env.template, ""))
  {
    assert ReferenceContext.FileKindOf(m.fileType).None? by {
      assert ToLower("docx") == "docx";
    }
    var papers := Papers(req, env);
    assert StudyMaterialService.MaterialsByCourse(env.materials, req.courseId) == [m];
    assert papers == [m];
    var ps := ReferenceContext.Contributions(papers, env.extract);
    assert ps == [None];
    assert ps[1..] == [];
    assert ReferenceContext.AggregateFrom(ps, 0) == ReferenceContext.AggregateFrom([], 0);
    assert PapersContent(req, env) == "";
  }

  /** Whatever the collaborators, an unknown course never reaches the model. */
  lemma UnknownCourseNeverCallsModel(req: McqRequest, env1: Collaborators, env2: Collaborators)
    requires env1.courses == env2.courses && req.courseId !in env1.courses
    ensures GenerateMcqQuestions(req, env1) == GenerateMcqQuestions(req, env2)
  {
  }
}
