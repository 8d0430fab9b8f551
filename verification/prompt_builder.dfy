/** `createSystemPrompt` (service/McqGenerationService.java): the
    deterministic instruction text sent to the chat model. */
module PromptBuilder {
  import opened JavaString

  const INTRO := "You are an educational assistant that creates high-quality multiple-choice questions (MCQs).\n\n"

  const PAPERS_INTRO := "I'm providing content from previous year papers to help you generate more authentic and relevant questions:\n\n"

  const PAPERS_HEADER := "PREVIOUS YEAR PAPERS CONTENT:\n---\n"

  const PAPERS_GUIDANCE :=
    "Use the content above to generate questions that match the style, difficulty level, and content coverage of actual exams for this course.\n"
    + "Try to modify the questions rather than copying them exactly, but keep the essential concepts being tested.\n\n"

  const NO_PAPERS_NOTE := "Note: No previous year papers are available, so create original questions based on typical curriculum for this course and topics.\n\n"

  /** The fixed closing part: the difficulty request, the requested option
      shape (four options, one correct; stated to the model, never checked),
      and the JSON layout the reply must follow. */
  const FORMAT_INSTRUCTIONS :=
    "Create challenging questions that test deep understanding, not just memorization.\n"
    + "Each question should have 4 options with only one correct answer.\n\n"
    + "Format your response as a JSON array of questions with the following structure:\n"
    + "[\n"
    + "    {\n"
    + "        \"question\": \"Full text of the question\",\n"
    + "        \"options\": [\n"
    + "            {\"option\": \"Option A text\", \"correct\": true|false},\n"
    + "            {\"option\": \"Option B text\", \"correct\": true|false},\n"
    + "            {\"option\": \"Option C text\", \"correct\": true|false},\n"
    + "            {\"option\": \"Option D text\", \"correct\": true|false}\n"
    + "        ],\n"
    + "        \"explanation\": \"Explanation of the correct answer\"\n"
    + "    }\n"
    + "]\n\n"
    + "Ensure exactly one option is marked as correct for each question.\n"
    + "Provide comprehensive explanations for the correct answers."
    + "i want strictly a complete json response , it is very mandatory. dont start the response with 'here are your 15 questions...' it must be pure json start to end "

  /** The fixed texts `createSystemPrompt` interleaves with the request. */
  datatype Template = Template(
    intro: string,
    papersIntro: string,
    papersHeader: string,
    papersGuidance: string,
    noPapersNote: string,
    formatInstructions: string)

  /** The texts as the service writes them. */
  const SOURCE_TEMPLATE := Template(INTRO, PAPERS_INTRO, PAPERS_HEADER, PAPERS_GUIDANCE, NO_PAPERS_NOTE, FORMAT_INSTRUCTIONS)

  /** The delimited block that carries the papers' text. */
  function Block(t: Template, content: string): string {
    t.papersHeader + content + "\n---"
  }

  function PapersBlock(content: string): string {
    Block(SOURCE_TEMPLATE, content)
  }

  ghost predicate OccursIn(s: string, p: string) {
    exists i :: OccursAt(s, p, i)
  }

  /** What a `StringBuilder` holds after appending `pieces` in order. */
  function Concat(pieces: seq<string>): string {
    if |pieces| == 0 then "" else pieces[0] + Concat(pieces[1..])
  }

  /** Every appended piece occurs in the built string. */
  lemma {:induction false} PieceOccurs(pieces: seq<string>, k: int)
    requires 0 <= k < |pieces|
    ensures OccursIn(Concat(pieces), pieces[k])
  {
    var rest := Concat(pieces[1..]);
    if k == 0 {
      OccursInConcat("", pieces[0], rest);
      assert "" + pieces[0] + rest == Concat(pieces);
    } else {
      PieceOccurs(pieces[1..], k - 1);
      var i :| OccursAt(rest, pieces[k], i);
      assert Concat(pieces)[|pieces[0]| + i..|pieces[0]| + i + |pieces[k]|] == rest[i..i + |pieces[k]|];
      assert OccursAt(Concat(pieces), pieces[k], |pieces[0]| + i);
    }
  }

  /** The middle section: the papers and how to use them, or the note that
      there are none. */
  function PapersSection(t: Template, hasPreviousPapers: bool, previousPapersContent: string): seq<string> {
    if hasPreviousPapers then
      [t.papersIntro, Block(t, previousPapersContent), "\n\n", t.papersGuidance]
    else [t.noPapersNote]
  }

  /** The appends of `createSystemPrompt`, in order. */
  function PromptPieces(t: Template, courseName: string, courseCode: string, topics: string,
                        numberOfQuestions: int32, hasPreviousPapers: bool,
                        previousPapersContent: string): seq<string> {
    [t.intro, "Generate ", IntToString(numberOfQuestions), " MCQs for the course \"", courseName,
     "\" (", courseCode, ") on the following topics: ", topics, ".\n\n"]
    + PapersSection(t, hasPreviousPapers, previousPapersContent)
    + [t.formatInstructions]
  }

  /** The prompt built from any template: the request's count, course name,
      code and topics, the papers block or the no-papers note, and the
      format instructions all appear in it. */
  function Layout(t: Template, courseName: string, courseCode: string, topics: string,
                  numberOfQuestions: int32, hasPreviousPapers: bool,
                  previousPapersContent: string): (r: string)
    ensures OccursIn(r, IntToString(numberOfQuestions))
    ensures OccursIn(r, courseName) && OccursIn(r, courseCode) && OccursIn(r, topics)
    ensures hasPreviousPapers ==> OccursIn(r, Block(t, previousPapersContent))
    ensures !hasPreviousPapers ==> OccursIn(r, t.noPapersNote)
    ensures OccursIn(r, t.formatInstructions)
  {
    var pieces := PromptPieces(t, courseName, courseCode, topics, numberOfQuestions,
                               hasPreviousPapers, previousPapersContent);
    PieceOccurs(pieces, 2);
    PieceOccurs(pieces, 4);
    PieceOccurs(pieces, 6);
    PieceOccurs(pieces, 8);
    PieceOccurs(pieces, |pieces| - 1);
    if hasPreviousPapers then
      PieceOccurs(pieces, 11);
      Concat(pieces)
    else
      PieceOccurs(pieces, 10);
      Concat(pieces)
  }

  /** `createSystemPrompt`: the layout over the service's own texts. */
  function CreateSystemPrompt(courseName: string, courseCode: string, topics: string,
                              numberOfQuestions: int32, hasPreviousPapers: bool,
                              previousPapersContent: string): (r: string)
    ensures OccursIn(r, IntToString(numberOfQuestions))
    ensures OccursIn(r, courseName) && OccursIn(r, courseCode) && OccursIn(r, topics)
    ensures hasPreviousPapers ==> OccursIn(r, PapersBlock(previousPapersContent))
    ensures !hasPreviousPapers ==> OccursIn(r, NO_PAPERS_NOTE)
    ensures OccursIn(r, FORMAT_INSTRUCTIONS)
  {
    Layout(SOURCE_TEMPLATE, courseName, courseCode, topics, numberOfQuestions,
           hasPreviousPapers, previousPapersContent)
  }

  lemma CreateSystemPromptIsLayout(courseName: string, courseCode: string, topics: string,
                                   numberOfQuestions: int32, hasPreviousPapers: bool,
                                   previousPapersContent: string)
    ensures CreateSystemPrompt(courseName, courseCode, topics, numberOfQuestions, hasPreviousPapers, previousPapersContent)
         == Layout(SOURCE_TEMPLATE, courseName, courseCode, topics, numberOfQuestions, hasPreviousPapers, previousPapersContent)
  {
  }

  /** Without papers the prompt does not depend on the content argument:
      nothing of it leaks into the instruction. */
  lemma PromptIgnoresContentWithoutPapers(courseName: string, courseCode: string, topics: string,
                                          numberOfQuestions: int32, c1: string, c2: string)
    ensures CreateSystemPrompt(courseName, courseCode, topics, numberOfQuestions, false, c1)
         == CreateSystemPrompt(courseName, courseCode, topics, numberOfQuestions, false, c2)
  {
  }
}
