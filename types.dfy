/** The record shapes shared by the service and the application (types.ts). */
module Types {
  import opened Wrappers

  /** One gift suggestion. `giftType` is the record's `type` field. */
  datatype GiftRecommendation = GiftRecommendation(
    id: string,
    giftName: string,
    whyItFits: string,
    budgetCategory: string,
    alternatives: seq<string>,
    giftType: string,
    targetAudience: string)

  /** The recipient profile entered in the form. */
  datatype UserInput = UserInput(age: string, occasion: string, hobbies: string, budget: string)

  /** The application's main state slot; `error` is `None` for JavaScript's `null`. */
  datatype AppState = AppState(
    loading: bool,
    recommendations: seq<GiftRecommendation>,
    favorites: seq<GiftRecommendation>,
    error: Option<string>)

  /** A value thrown by an `async` call: an `Error` object with its message, or anything else. */
  datatype Thrown = ErrorObject(message: string) | OtherValue
}
