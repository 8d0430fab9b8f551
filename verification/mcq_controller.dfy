/** `McqController.generateMcqs`: the request gate in front of the
    generation service. */
module McqController {
  import opened Wrappers
  import opened JavaString
  import opened Entities
  import McqGeneration

  const DEFAULT_QUESTIONS := 15
  const MAX_QUESTIONS := 30

  /** The HTTP outcome: 200 with the question list, 400 or 500 with a null body. */
  datatype Response = Success(questions: seq<McqQuestion>) | BadRequest | InternalServerError

  /** The count the service receives: a non-positive count becomes 15, one
      above 30 becomes 30, and one in [1, 30] passes unchanged. */
  function ClampCount(n: int32): (r: int32)
    ensures 1 <= r <= MAX_QUESTIONS
    ensures n <= 0 ==> r == DEFAULT_QUESTIONS
    ensures n > MAX_QUESTIONS ==> r == MAX_QUESTIONS
    ensures 1 <= n <= MAX_QUESTIONS ==> r == n
  {
    if n <= 0 then DEFAULT_QUESTIONS
    else if n > MAX_QUESTIONS then MAX_QUESTIONS
    else n
  }

  /** `generateMcqs`: null or empty topics are rejected before the service is
      called; any exception of the service becomes a 500 with no partial
      list; on success the response carries the service's list itself. */
  function GenerateMcqs(courseId: string, topics: Option<seq<string>>, numberOfQuestions: int32,
                        env: McqGeneration.Collaborators): (r: Response)
    ensures topics.None? || topics == Some([]) ==> r == BadRequest
    ensures topics.Some? && |topics.value| > 0 ==>
      var served := McqGeneration.GenerateMcqQuestions(
        McqGeneration.McqRequest(courseId, topics.value, ClampCount(numberOfQuestions)), env);
      && (served.Err? <==> r == InternalServerError)
      && (served.Ok? ==> r == Success(served.value))
  {
    if topics.None? || |topics.value| == 0 then BadRequest
    else
      var req := McqGeneration.McqRequest(courseId, topics.value, ClampCount(numberOfQuestions));
      match McqGeneration.GenerateMcqQuestions(req, env)
      case Ok(qs) => Success(qs)
      case Err(_) => InternalServerError
  }

  /** A successful response never holds more questions than the clamped
      count, so never more than 30. */
  lemma ResponseWithinLimit(courseId: string, topics: Option<seq<string>>, numberOfQuestions: int32,
                            env: McqGeneration.Collaborators)
    ensures var r := GenerateMcqs(courseId, topics, numberOfQuestions, env);
      r.Success? ==> |r.questions| <= ClampCount(numberOfQuestions) <= MAX_QUESTIONS
  {
  }

  /** The service never sees a count that makes the cut throw. */
  lemma ClampedCountNeverInvalid(courseId: string, topics: seq<string>, numberOfQuestions: int32,
                                 env: McqGeneration.Collaborators)
    ensures McqGeneration.GenerateMcqQuestions(
      McqGeneration.McqRequest(courseId, topics, ClampCount(numberOfQuestions)), env)
      != Err(McqGeneration.InvalidCount)
  {
  }
}
