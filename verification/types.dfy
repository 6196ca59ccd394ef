/**
 * The records of the application (src/types/index.ts). Dates and ISO
 * timestamps are integers: milliseconds since the epoch.
 */
module Types {
  import opened Common

  datatype ExerciseKind =
    | MultipleChoice
    | SelectLetters
    | MatchPairs
    | TypeIn        // "type"
    | OrderWords
    | TrueFalse
    | Flashcard

  datatype Lang = En | Bg

  /** `string | string[]`: the shape of both a submitted answer and an expected one. */
  datatype Answer = One(text: string) | List(items: seq<string>)

  /** The kind-specific `data` payload, with the fields the components read. */
  datatype Payload =
    | Options(options: seq<string>)
    | Letters(letters: seq<string>, targetWord: string)
    | Pairs(leftItems: seq<string>, rightItems: seq<string>)
    | Words(words: seq<string>)
    | Statement(statement: string)
    | Card(front: string, back: string)

  datatype Exercise = Exercise(
    id: string,
    kind: ExerciseKind,
    prompt: string,
    promptLang: Lang,
    data: Payload,
    correct: Answer,
    tips: Option<seq<string>>)

  datatype Lesson = Lesson(
    id: string,
    title: string,
    unitId: string,
    prerequisites: Option<seq<string>>,
    exercises: seq<Exercise>)

  datatype Unit = Unit(id: string, title: string, order: int, lessons: seq<string>)

  /**
   * One finished exercise. `srsConfidence` is not declared on the source's
   * interface but is set and read by the code, so it is part of the record here.
   */
  datatype ExerciseResult = ExerciseResult(
    exerciseId: string,
    correct: bool,
    timeSpent: int,
    attempts: nat,
    srsConfidence: Option<int>)

  datatype LessonResult = LessonResult(
    lessonId: string,
    score: int,
    totalExercises: nat,
    correctAnswers: nat,
    xpEarned: int,
    completedAt: int,
    exerciseResults: seq<ExerciseResult>)

  /** The review bucket, declared as `0 | 1 | 2 | 3 | 4`. */
  type Bucket = b: int | 0 <= b <= 4

  datatype SrsItem = SrsItem(bucket: Bucket, due: int)

  datatype Completion = Completion(timestamp: int, score: int)

  datatype Theme = System | Light | Dark

  datatype Settings = Settings(haptics: bool, theme: Theme, soundEnabled: bool)

  datatype ProgressState = ProgressState(
    version: string,
    xp: int,
    level: int,
    streakDays: int,
    lastActive: int,
    completedLessons: map<string, Completion>,
    srs: map<string, SrsItem>,
    badges: seq<string>,
    settings: Settings)
}
