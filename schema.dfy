/**
 * The rows of the `tutorials` and `saved_designs` tables and their insert shapes.
 */
module Schema {
  import opened Wrappers

  /** A row of `tutorials`. `createdAt` is nullable and defaults to the insert time. */
  datatype Tutorial = Tutorial(
    id: int,
    title: string,
    imageSource: string,
    styleCategory: string,
    difficultyLevel: string,
    toolsRequired: seq<string>,
    tutorialContent: string,
    creatorCredit: Option<string>,
    createdAt: Option<int>)

  /** The insert shape of a tutorial: every column except `id` and `createdAt`. */
  datatype NewTutorial = NewTutorial(
    title: string,
    imageSource: string,
    styleCategory: string,
    difficultyLevel: string,
    toolsRequired: seq<string>,
    tutorialContent: string,
    creatorCredit: Option<string>)

  /** A row of `saved_designs`. */
  datatype SavedDesign = SavedDesign(
    id: int,
    userId: Option<string>,
    imageUrl: string,
    prompt: string,
    canvasImageUrl: Option<string>,
    tags: Option<seq<string>>,
    isFavorite: Option<bool>,
    createdAt: int)

  /** A column value in an insert: left out (the column default applies) or given. */
  datatype Field<+T> = Omitted | Given(value: T)

  /** The insert shape of a saved design; `isFavorite` may be omitted, given, or given as null. */
  datatype NewSavedDesign = NewSavedDesign(
    userId: Option<string>,
    imageUrl: string,
    prompt: string,
    canvasImageUrl: Option<string>,
    tags: Option<seq<string>>,
    isFavorite: Field<Option<bool>>)
}
