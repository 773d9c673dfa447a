/** The entities the game core shares with its callers. */
module Domain {
  import opened Wrappers

  /** A chat user's identifier; the core compares players only by it. */
  type UserId = int

  /** A chat user: the identifier plus a display handle the core never inspects. */
  datatype Player = Player(id: UserId, handle: string)

  newtype Byte = x: int | 0 <= x < 256

  /** Raw PNG data returned by the image service. */
  type Bytes = seq<Byte>

  /** Every exception kind the core's operations can raise. */
  datatype Error =
    | SubmissionDoesNotMatchAcro  // Round.SubmissionDoesNotMatchAcroError
    | EmptyWord                   // IndexError from `word[0]` on an empty word
    | ImageFailed                 // any exception from the image service, the safety filter included
    | AlreadyVoted                // Round.AlreadyVotedError
    | CantVoteForYourself         // Round.CantVoteForYourselfError
    | SubmissionDoesNotExist      // Round.SubmissionDoesNotExistError
    | NoCurrentRound              // IndexError from `self._rounds[-1]` before the first round

  /** What one call of the image service produced. */
  datatype RenderOutcome =
    | Rendered(png: Bytes)  // an image artifact came back
    | NoImage               // the answers ran out without an image: the service returns None
    | Raised                // the service raised (safety filter or transport failure)

  /** The image a submission stores for a render that did not raise. */
  function ImageOf(render: RenderOutcome): (image: Option<Bytes>)
    requires !render.Raised?
    ensures image.Some? <==> render.Rendered?
    ensures render.Rendered? ==> image.value == render.png
  {
    if render.Rendered? then Some(render.png) else None
  }
}
