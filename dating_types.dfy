/**
 * Records of the dating feature (mobile/src/types/dating.ts).
 */
module DatingTypes {
  import opened Wrappers

  /**
   * A profile's age as stored: typed as a number, but documents written by older clients
   * hold it as a string, which is what `sanitizeProfile` repairs. Numbers are whole here.
   */
  datatype AgeValue = AgeNumber(n: int) | AgeString(s: string)

  datatype DatingProfile = DatingProfile(
    id: string,
    email: string,
    name: Option<string>,
    gender: Option<string>,
    age: Option<AgeValue>,
    location: Option<string>,
    occupation: Option<string>,
    interests: Option<string>,
    about: Option<string>,
    videoURL: Option<string>,
    createdAt: Option<string>,
    updatedAt: Option<string>)

  datatype SwipeAction = Like | Dislike | Superlike | Boost

  datatype SwipeRecord = SwipeRecord(userId: string, targetUserId: string, action: SwipeAction, timestamp: string)

  datatype Match = Match(users: seq<string>, createdAt: string)

  /** JavaScript truthiness of an optional string. */
  predicate TruthyText(s: Option<string>)
  {
    s.Some? && s.value != ""
  }
}
