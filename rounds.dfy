/** `Round`: one round's acronym and the submissions accepted for it, with
    the votes cast on them. The class holds the state the code updates in
    place; its methods are proved against the functions of the Tally module. */
module Rounds {
  import opened Wrappers
  import opened Domain
  import opened Text
  import opened Acronym
  import opened Submissions
  import opened Tally

  /** `Round.ACRO_LEN_MIN` and `Round.ACRO_LEN_MAX`. */
  const AcroLenMin := 3
  const AcroLenMax := 6

  /** An acronym `gen_with_acro` can produce: 3 to 6 uppercase letters. */
  predicate IsRoundAcronym(acro: string) {
    && AcroLenMin <= |acro| && |acro| <= AcroLenMax
    && forall i :: 0 <= i < |acro| ==> IsAcronymLetter(acro[i])
  }

  /** What `Round.add_submission(player, text)` reports for acronym `acro`
      when the image service behaves as `render`: the acronym test comes
      first, so a phrase that fails it never reaches the service. */
  function SubmitOutcome(acro: string, text: string, render: RenderOutcome): (r: Outcome<Error>)
  {
    match CheckAcro(text, acro)
    case Fail(e) => Fail(e)
    case Pass => if render.Raised? then Fail(ImageFailed) else Pass
  }

  /** A submission is accepted exactly when its initials pass the acronym
      test and the image service does not raise; a failed test is reported
      as such whatever the service would have done, and the image failure
      is reported only for a phrase that passed. */
  lemma SubmitOutcomeMeaning(acro: string, text: string, render: RenderOutcome)
    ensures SubmitOutcome(acro, text, render) == Pass <==>
      && |Words(text)| == |acro|
      && (forall i :: 0 <= i < |Words(text)| ==> Words(text)[i] != [] && UpperChar(Words(text)[i][0]) == acro[i])
      && !render.Raised?
    ensures CheckAcro(text, acro).Fail? ==> SubmitOutcome(acro, text, render) == CheckAcro(text, acro)
    ensures CheckAcro(text, acro) == Pass && render.Raised? ==> SubmitOutcome(acro, text, render) == Fail(ImageFailed)
    ensures SubmitOutcome(acro, text, render) in {Pass, Fail(EmptyWord), Fail(SubmissionDoesNotMatchAcro), Fail(ImageFailed)}
  {
    CheckAcroMeaning(text, acro);
  }

  /** What `Round.add_vote` reports on a round whose submissions are `es`. */
  function VoteResult(es: seq<Submission>, voter: Player, id: string): (r: Outcome<Error>)
    ensures r == Pass <==> VoteOutcome(es, voter, id).Success?
    ensures r.Fail? ==> VoteOutcome(es, voter, id) == Failure(r.error)
  {
    match VoteOutcome(es, voter, id)
    case Success(_) => Pass
    case Failure(e) => Fail(e)
  }

  class Round {
    const acro: string
    var submissions: seq<Submission>

    /** No player has voted twice in the round and nobody has voted for
        their own submission. */
    ghost predicate Valid()
      reads this
    {
      WellFormed(submissions)
    }

    /** `Round(acro)`: no submissions yet. */
    constructor (acro: string)
      ensures this.acro == acro && submissions == []
      ensures Valid()
    {
      this.acro := acro;
      submissions := [];
    }

    /** `Round.gen_with_acro()`, for the draws of `gen_acro(3, 6)`. */
    static method GenWithAcro(n: int, picks: seq<nat>) returns (r: Round)
      requires ValidDraw(AcroLenMin, AcroLenMax, n, picks)
      ensures fresh(r) && r.submissions == [] && r.Valid()
      ensures Some(r.acro) == GenAcro(AcroLenMin, AcroLenMax, n, picks)
      ensures IsRoundAcronym(r.acro)
    {
      var acro := GenAcro(AcroLenMin, AcroLenMax, n, picks);
      r := new Round(acro.value);
    }

    /** `num_submissions`. */
    function NumSubmissions(): (n: nat)
      reads this
      ensures n == |submissions|
    {
      |submissions|
    }

    /** `all_voter_user_ids`: every vote's voter id, submission by submission;
        an id is among them exactly when it is among some submission's voters. */
    function AllVoterUserIds(): (ids: seq<UserId>)
      reads this
      ensures |ids| == TotalVotes(submissions)
      ensures forall u :: u in ids <==> exists k :: 0 <= k < |submissions| && u in submissions[k].VoterUserIds()
    {
      AllVoterIdsMeaning(submissions);
      AllVoterIds(submissions)
    }

    /** `num_votes`: the sum of the submissions' vote counts, one per voter id. */
    function NumVotes(): (n: nat)
      reads this
      ensures n == |AllVoterUserIds()|
    {
      TotalVotes(submissions)
    }

    /** `add_submission(player, text)`: a phrase whose initials do not spell
        the acronym, or whose image fails, leaves the round as it was;
        otherwise exactly one new submission, with this player and text, the
        drawn id and no votes, is appended at the end. */
    method AddSubmission(player: Player, text: string, render: RenderOutcome, idPicks: seq<nat>)
      returns (r: Outcome<Error>)
      requires Valid() && ValidIdDraw(idPicks)
      modifies this`submissions
      ensures Valid()
      ensures r == SubmitOutcome(acro, text, render)
      ensures r.Fail? ==> submissions == old(submissions)
      ensures r == Pass ==>
        submissions == old(submissions) + [Submission(player, text, ImageOf(render), GenId(idPicks), [])]
      ensures NumVotes() == old(NumVotes())
    {
      var check := CheckAcro(text, acro);
      if check.Fail? {
        return check;
      }
      var s := Generate(player, text, render, idPicks);
      if s.Failure? {
        return Fail(s.error);
      }
      SubmitStep(submissions, s.value);
      submissions := submissions + [s.value];
      return Pass;
    }

    /** `add_vote(voter, id)`: a repeat voter is refused before any lookup,
        then the first submission with this id decides: a self-vote is
        refused, otherwise the voter is appended to that submission only.
        An unknown id is refused. A refusal changes nothing. */
    method AddVote(voter: Player, id: string) returns (r: Outcome<Error>)
      requires Valid()
      modifies this`submissions
      ensures Valid()
      ensures r == VoteResult(old(submissions), voter, id)
      ensures submissions == CastVote(old(submissions), voter, id)
      ensures r.Fail? ==> submissions == old(submissions)
      ensures r == Pass ==> NumVotes() == old(NumVotes()) + 1
    {
      if voter.id in AllVoterUserIds() {
        return Fail(AlreadyVoted);
      }
      var i := 0;
      while i < |submissions|
        invariant 0 <= i <= |submissions|
        invariant forall j :: 0 <= j < i ==> submissions[j].id != id
      {
        var s := submissions[i];
        if s.id == id {
          FirstWithIdMeaning(submissions, id);
          assert FirstWithId(submissions, id) == Some(i);
          if voter.id == s.player.id {
            return Fail(CantVoteForYourself);
          }
          CastVoteStep(submissions, voter, id);
          submissions := submissions[i := s.AddVote(voter)];
          return Pass;
        }
        i := i + 1;
      }
      FirstWithIdMeaning(submissions, id);
      return Fail(SubmissionDoesNotExist);
    }
  }

  /** In a valid round `num_votes` is the number of distinct players who voted. */
  lemma NumVotesCountsVoters(round: Round)
    requires round.Valid()
    ensures round.NumVotes() == |Elements(round.AllVoterUserIds())|
  {
    VotesAreDistinctVoters(round.submissions);
  }
}
