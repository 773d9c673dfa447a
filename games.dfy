/** `Game`: the roster, the rounds played so far and the two queues through
    which the command handlers tell the game loop that a player has
    submitted or voted. The queues are sequences: `put` appends and `get`
    takes from the front. */
module Games {
  import opened Wrappers
  import opened Domain
  import opened Acronym
  import opened Submissions
  import opened Tally
  import opened Rounds

  /** `NUM_ROUNDS`, the default of `num_rounds`. */
  const NumRoundsDefault := 2

  /** `for _ in range(n): q.get()` on the queue `q`: takes players from the
      front, in order, and reports `suspended` when the queue runs dry
      first; a real coroutine would then wait for the next `put`. */
  method Drain(q: seq<Player>, n: nat) returns (taken: seq<Player>, rest: seq<Player>, suspended: bool)
    ensures suspended <==> |q| < n
    ensures taken + rest == q
    ensures !suspended ==> |taken| == n
    ensures suspended ==> rest == []
  {
    taken, rest := [], q;
    var i := 0;
    while i < n
      invariant 0 <= i <= n
      invariant |taken| == i
      invariant taken + rest == q
    {
      if rest == [] {
        return taken, rest, true;
      }
      taken, rest := taken + [rest[0]], rest[1..];
      i := i + 1;
    }
    return taken, rest, false;
  }

  class Game {
    var players: seq<Player>
    const numRounds: int
    var isDone: bool
    var rounds: seq<Round>
    var submissionQueue: seq<Player>
    var voteQueue: seq<Player>

    /** The roster is never empty, the rounds are distinct objects, every
        round's acronym is one `gen_with_acro` can produce, and the current
        round is valid. */
    ghost predicate Valid()
      reads this, rounds
    {
      && |players| >= 1
      && (forall i, j :: 0 <= i < j < |rounds| ==> rounds[i] != rounds[j])
      && (forall k :: 0 <= k < |rounds| ==> IsRoundAcronym(rounds[k].acro))
      && (rounds != [] ==> rounds[|rounds| - 1].Valid())
    }

    /** `Game(initial_player, channel, num_rounds=NUM_ROUNDS)`: the creator is
        the only player, no round has started and both queues are empty. */
    constructor (initial: Player, numRounds: int := NumRoundsDefault)
      ensures players == [initial] && this.numRounds == numRounds && !isDone
      ensures rounds == [] && submissionQueue == [] && voteQueue == []
      ensures Valid()
    {
      players := [initial];
      this.numRounds := numRounds;
      isDone := false;
      rounds := [];
      submissionQueue := [];
      voteQueue := [];
    }

    /** `current_round_no`: the number of rounds started so far. */
    function CurrentRoundNo(): (n: nat)
      reads this
      ensures n == |rounds|
    {
      |rounds|
    }

    /** `current_round`: the round started last. */
    function CurrentRound(): (r: Round)
      reads this
      requires rounds != []
      ensures r in rounds && r == rounds[CurrentRoundNo() - 1]
    {
      rounds[|rounds| - 1]
    }

    /** `add_player(player)`: appended with no duplicate check. */
    method AddPlayer(p: Player)
      requires Valid()
      modifies this
      ensures Valid()
      ensures players == old(players) + [p]
      ensures rounds == old(rounds) && isDone == old(isDone)
      ensures submissionQueue == old(submissionQueue) && voteQueue == old(voteQueue)
    {
      players := players + [p];
    }

    /** `next_round()`: one new round with a fresh acronym goes at the end.
        Nothing compares the count with `num_rounds`. */
    method NextRound(n: int, picks: seq<nat>)
      requires Valid() && ValidDraw(AcroLenMin, AcroLenMax, n, picks)
      modifies this
      ensures Valid()
      ensures |rounds| == |old(rounds)| + 1 && rounds[..|old(rounds)|] == old(rounds)
      ensures CurrentRoundNo() == old(CurrentRoundNo()) + 1
      ensures fresh(CurrentRound()) && CurrentRound().submissions == []
      ensures Some(CurrentRound().acro) == GenAcro(AcroLenMin, AcroLenMax, n, picks)
      ensures players == old(players) && isDone == old(isDone)
      ensures submissionQueue == old(submissionQueue) && voteQueue == old(voteQueue)
    {
      var r := Round.GenWithAcro(n, picks);
      rounds := rounds + [r];
    }

    /** `start()`: the first call of `next_round`. */
    method Start(n: int, picks: seq<nat>)
      requires Valid() && ValidDraw(AcroLenMin, AcroLenMax, n, picks)
      modifies this
      ensures Valid()
      ensures |rounds| == |old(rounds)| + 1 && rounds[..|old(rounds)|] == old(rounds)
      ensures fresh(CurrentRound()) && CurrentRound().submissions == []
      ensures Some(CurrentRound().acro) == GenAcro(AcroLenMin, AcroLenMax, n, picks)
      ensures players == old(players) && isDone == old(isDone)
      ensures submissionQueue == old(submissionQueue) && voteQueue == old(voteQueue)
    {
      NextRound(n, picks);
    }

    /** `add_submission(player, text)`: the current round decides, and only
        an accepted submission puts the player on the submission queue.
        Before the first round there is no current round to ask. Earlier
        rounds are left alone. */
    method AddSubmission(player: Player, text: string, render: RenderOutcome, idPicks: seq<nat>)
      returns (r: Outcome<Error>)
      requires Valid() && ValidIdDraw(idPicks)
      modifies this, if rounds == [] then {} else {rounds[|rounds| - 1]}
      ensures Valid()
      ensures rounds == old(rounds) && players == old(players) && voteQueue == old(voteQueue) && isDone == old(isDone)
      ensures forall k :: 0 <= k < |rounds| - 1 ==> rounds[k].submissions == old(rounds[k].submissions)
      ensures old(rounds) == [] ==> r == Fail(NoCurrentRound) && submissionQueue == old(submissionQueue)
      ensures old(rounds) != [] ==>
        && r == SubmitOutcome(CurrentRound().acro, text, render)
        && submissionQueue == old(submissionQueue) + (if r == Pass then [player] else [])
        && CurrentRound().submissions == old(CurrentRound().submissions) +
             (if r == Pass then [Submission(player, text, ImageOf(render), GenId(idPicks), [])] else [])
    {
      if rounds == [] {
        return Fail(NoCurrentRound);
      }
      var round := rounds[|rounds| - 1];
      r := round.AddSubmission(player, text, render, idPicks);
      if r == Pass {
        submissionQueue := submissionQueue + [player];
      }
    }

    /** `add_vote(player, id)`: the current round decides, and only an
        accepted vote puts the player on the vote queue. Before the first
        round there is no current round to ask. Earlier rounds are left alone. */
    method AddVote(player: Player, id: string) returns (r: Outcome<Error>)
      requires Valid()
      modifies this, if rounds == [] then {} else {rounds[|rounds| - 1]}
      ensures Valid()
      ensures rounds == old(rounds) && players == old(players) && submissionQueue == old(submissionQueue) && isDone == old(isDone)
      ensures forall k :: 0 <= k < |rounds| - 1 ==> rounds[k].submissions == old(rounds[k].submissions)
      ensures old(rounds) == [] ==> r == Fail(NoCurrentRound) && voteQueue == old(voteQueue)
      ensures old(rounds) != [] ==>
        && r == VoteResult(old(CurrentRound().submissions), player, id)
        && CurrentRound().submissions == CastVote(old(CurrentRound().submissions), player, id)
        && voteQueue == old(voteQueue) + (if r == Pass then [player] else [])
    {
      if rounds == [] {
        return Fail(NoCurrentRound);
      }
      var round := rounds[|rounds| - 1];
      r := round.AddVote(player, id);
      if r == Pass {
        voteQueue := voteQueue + [player];
      }
    }

    /** `wait_submissions()`: yields the next `len(players)` players from the
        submission queue, first in first out. */
    method WaitSubmissions() returns (yielded: seq<Player>, suspended: bool)
      modifies this
      ensures suspended <==> |old(submissionQueue)| < |players|
      ensures !suspended ==> yielded == old(submissionQueue)[..|players|]
      ensures !suspended ==> submissionQueue == old(submissionQueue)[|players|..]
      ensures suspended ==> yielded == old(submissionQueue) && submissionQueue == []
      ensures players == old(players) && rounds == old(rounds) && voteQueue == old(voteQueue)
      ensures isDone == old(isDone)
    {
      var rest;
      yielded, rest, suspended := Drain(submissionQueue, |players|);
      submissionQueue := rest;
    }

    /** `wait_votes()`: yields the next `len(players)` players from the vote
        queue, first in first out. */
    method WaitVotes() returns (yielded: seq<Player>, suspended: bool)
      modifies this
      ensures suspended <==> |old(voteQueue)| < |players|
      ensures !suspended ==> yielded == old(voteQueue)[..|players|]
      ensures !suspended ==> voteQueue == old(voteQueue)[|players|..]
      ensures suspended ==> yielded == old(voteQueue) && voteQueue == []
      ensures players == old(players) && rounds == old(rounds) && submissionQueue == old(submissionQueue)
      ensures isDone == old(isDone)
    {
      var rest;
      yielded, rest, suspended := Drain(voteQueue, |players|);
      voteQueue := rest;
    }

    /** `num_submissions_remaining`: the roster size less the current
        round's submissions; negative once a player has submitted twice. */
    function NumSubmissionsRemaining(): (n: int)
      reads this, rounds
      requires rounds != []
      ensures n == |players| - CurrentRound().NumSubmissions()
    {
      |players| - |rounds[|rounds| - 1].submissions|
    }

    /** `num_votes_remaining`: the roster size less the current round's votes. */
    function NumVotesRemaining(): (n: int)
      reads this, rounds
      requires rounds != []
      ensures n == |players| - CurrentRound().NumVotes()
    {
      |players| - rounds[|rounds| - 1].NumVotes()
    }
  }

  /** In a valid game the votes still awaited are the roster size less the
      number of distinct players who have voted in the current round. */
  lemma VotesRemainingCountsVoters(game: Game)
    requires game.Valid() && game.rounds != []
    ensures game.NumVotesRemaining() == |game.players| - |Elements(game.CurrentRound().AllVoterUserIds())|
  {
    NumVotesCountsVoters(game.CurrentRound());
  }
}
