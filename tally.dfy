/** The vote bookkeeping of one round, on values: the round's submissions
    in arrival order, and what `Round.add_vote` decides and changes. The
    Round class is proved against these functions. */
module Tally {
  import opened Wrappers
  import opened Domain
  import opened Submissions

  /** No value occurs twice. */
  predicate NoDup<T(==)>(s: seq<T>) {
    forall i, j :: 0 <= i < j < |s| ==> s[i] != s[j]
  }

  /** The set of values in a sequence. */
  function Elements<T(==)>(s: seq<T>): set<T> {
    set x | x in s
  }

  /** `Round.all_voter_user_ids`: the chain of every submission's voter ids. */
  function AllVoterIds(es: seq<Submission>): seq<UserId>
  {
    if es == [] then [] else VoterIds(es[0].voters) + AllVoterIds(es[1..])
  }

  /** `Round.num_votes`: the sum of the submissions' vote counts. */
  function TotalVotes(es: seq<Submission>): nat
  {
    if es == [] then 0 else |es[0].voters| + TotalVotes(es[1..])
  }

  lemma {:induction false} AllVoterIdsConcat(a: seq<Submission>, b: seq<Submission>)
    ensures AllVoterIds(a + b) == AllVoterIds(a) + AllVoterIds(b)
    ensures TotalVotes(a + b) == TotalVotes(a) + TotalVotes(b)
    decreases |a|
  {
    if a == [] {
      assert a + b == b;
    } else {
      assert (a + b)[1..] == a[1..] + b;
      AllVoterIdsConcat(a[1..], b);
    }
  }

  /** The chained voter ids are one per vote, and an id is among them exactly
      when it is among some submission's voters. */
  lemma {:induction false} AllVoterIdsMeaning(es: seq<Submission>)
    ensures |AllVoterIds(es)| == TotalVotes(es)
    ensures forall u :: u in AllVoterIds(es) <==> exists k :: 0 <= k < |es| && u in VoterIds(es[k].voters)
    decreases |es|
  {
    if es != [] {
      AllVoterIdsMeaning(es[1..]);
      forall u | u in AllVoterIds(es) ensures exists k :: 0 <= k < |es| && u in VoterIds(es[k].voters) {
        if u !in VoterIds(es[0].voters) {
          var k :| 0 <= k < |es[1..]| && u in VoterIds(es[1..][k].voters);
          assert es[k + 1] == es[1..][k];
        }
      }
      forall u | exists k :: 0 <= k < |es| && u in VoterIds(es[k].voters) ensures u in AllVoterIds(es) {
        var k :| 0 <= k < |es| && u in VoterIds(es[k].voters);
        if k > 0 {
          assert es[1..][k - 1] == es[k];
        }
      }
    }
  }

  /** The position of the first entry whose id is `id`: the submission the
      search loop of `add_vote` stops at. */
  function FirstWithId(es: seq<Submission>, id: string): (r: Option<nat>)
    ensures r.Some? ==> r.value < |es| && es[r.value].id == id
  {
    if es == [] then None
    else if es[0].id == id then Some(0)
    else match FirstWithId(es[1..], id)
      case None => None
      case Some(k) => Some(k + 1)
  }

  /** The search finds the first match, and finds nothing only when no entry matches. */
  lemma {:induction false} FirstWithIdMeaning(es: seq<Submission>, id: string)
    ensures FirstWithId(es, id).Some? ==> forall j :: 0 <= j < FirstWithId(es, id).value ==> es[j].id != id
    ensures FirstWithId(es, id).None? <==> forall j :: 0 <= j < |es| ==> es[j].id != id
    decreases |es|
  {
    if es != [] && es[0].id != id {
      FirstWithIdMeaning(es[1..], id);
      assert forall j :: 1 <= j < |es| ==> es[j] == es[1..][j - 1];
    }
  }

  /** What `Round.add_vote(voter, id)` decides: the position of the submission
      that receives the vote, or the error it raises. */
  function VoteOutcome(es: seq<Submission>, voter: Player, id: string): (r: Result<nat, Error>)
    ensures r.Success? ==> r.value < |es|
  {
    if voter.id in AllVoterIds(es) then Failure(AlreadyVoted)
    else match FirstWithId(es, id)
      case None => Failure(SubmissionDoesNotExist)
      case Some(k) => if es[k].player.id == voter.id then Failure(CantVoteForYourself) else Success(k)
  }

  /** The checks of `add_vote` in their order: a repeat voter first, then an
      id no submission has, then a self-vote on the first submission with
      the id; only a vote that passes all three lands, on that submission. */
  lemma VoteOutcomeMeaning(es: seq<Submission>, voter: Player, id: string)
    ensures VoteOutcome(es, voter, id) == Failure(AlreadyVoted) <==> voter.id in AllVoterIds(es)
    ensures VoteOutcome(es, voter, id) == Failure(SubmissionDoesNotExist) <==>
      voter.id !in AllVoterIds(es) && forall k :: 0 <= k < |es| ==> es[k].id != id
    ensures VoteOutcome(es, voter, id) == Failure(CantVoteForYourself) <==>
      && voter.id !in AllVoterIds(es)
      && exists k :: 0 <= k < |es| && es[k].id == id && es[k].player.id == voter.id && forall j :: 0 <= j < k ==> es[j].id != id
    ensures VoteOutcome(es, voter, id).Success? ==>
      && voter.id !in AllVoterIds(es)
      && es[VoteOutcome(es, voter, id).value].id == id
      && es[VoteOutcome(es, voter, id).value].player.id != voter.id
      && forall j :: 0 <= j < VoteOutcome(es, voter, id).value ==> es[j].id != id
    ensures VoteOutcome(es, voter, id).Failure? ==>
      VoteOutcome(es, voter, id).error in {AlreadyVoted, SubmissionDoesNotExist, CantVoteForYourself}
  {
    FirstWithIdMeaning(es, id);
    var f := FirstWithId(es, id);
    if voter.id !in AllVoterIds(es) && f.Some? {
      forall k | 0 <= k < |es| && es[k].id == id && forall j :: 0 <= j < k ==> es[j].id != id
        ensures k == f.value
      {
      }
    }
  }

  /** The entries once `voter` is appended to the voters of entry `k`. */
  function ApplyVote(es: seq<Submission>, k: nat, voter: Player): (es': seq<Submission>)
    requires k < |es|
  {
    es[k := es[k].AddVote(voter)]
  }

  /** The entries after one `add_vote` call: unchanged when it raises. */
  function CastVote(es: seq<Submission>, voter: Player, id: string): (es': seq<Submission>)
  {
    match VoteOutcome(es, voter, id)
    case Failure(_) => es
    case Success(k) => ApplyVote(es, k, voter)
  }

  /** What one `add_vote` call does to the submissions: a refusal changes
      nothing; a vote that lands appends the voter, in arrival order, to the
      first submission with the id and leaves every other submission, and
      every other field of the target, as it was. */
  lemma CastVoteEffect(es: seq<Submission>, voter: Player, id: string)
    ensures |CastVote(es, voter, id)| == |es|
    ensures VoteOutcome(es, voter, id).Failure? ==> CastVote(es, voter, id) == es
    ensures VoteOutcome(es, voter, id).Success? ==>
      var k := VoteOutcome(es, voter, id).value;
      var es' := CastVote(es, voter, id);
      && es[k].id == id
      && es'[k].voters == es[k].voters + [voter]
      && es'[k].VoterUserIds() == es[k].VoterUserIds() + [voter.id]
      && es'[k].player == es[k].player && es'[k].text == es[k].text
      && es'[k].image == es[k].image && es'[k].id == es[k].id
      && forall j :: 0 <= j < |es| && j != k ==> es'[j] == es[j]
  {
  }

  /** The invariant every round keeps: no player has voted twice, and no
      submission lists its own player among its voters. */
  ghost predicate WellFormed(es: seq<Submission>) {
    && NoDup(AllVoterIds(es))
    && forall k :: 0 <= k < |es| ==> es[k].player.id !in VoterIds(es[k].voters)
  }

  lemma NoDupInsert<T>(p: seq<T>, c: seq<T>, x: T)
    requires NoDup(p + c) && x !in p + c
    ensures NoDup(p + [x] + c)
  {
    var s, t := p + [x] + c, p + c;
    forall i, j | 0 <= i < j < |s| ensures s[i] != s[j] {
      if j < |p| {
        assert s[i] == t[i] && s[j] == t[j];
      } else if j == |p| {
        assert s[j] == x && s[i] == t[i];
      } else if i < |p| {
        assert s[i] == t[i] && s[j] == t[j - 1];
      } else if i == |p| {
        assert s[i] == x && s[j] == t[j - 1];
      } else {
        assert s[i] == t[i - 1] && s[j] == t[j - 1];
      }
    }
  }

  lemma {:induction false} AllVoterIdsAround(pre: seq<Submission>, e: Submission, post: seq<Submission>)
    ensures AllVoterIds(pre + [e] + post) == AllVoterIds(pre) + VoterIds(e.voters) + AllVoterIds(post)
    ensures TotalVotes(pre + [e] + post) == TotalVotes(pre) + |e.voters| + TotalVotes(post)
  {
    AllVoterIdsConcat(pre + [e], post);
    AllVoterIdsConcat(pre, [e]);
    assert [e][1..] == [];
    assert AllVoterIds([e]) == VoterIds(e.voters);
    assert TotalVotes([e]) == |e.voters|;
  }

  /** A vote adds its voter's id to the chained ids, and leaves the rest in place. */
  lemma {:induction false} ApplyVoteIds(es: seq<Submission>, k: nat, voter: Player)
    requires k < |es|
    ensures AllVoterIds(es) == AllVoterIds(es[..k]) + VoterIds(es[k].voters) + AllVoterIds(es[k + 1..])
    ensures AllVoterIds(ApplyVote(es, k, voter))
         == AllVoterIds(es[..k]) + VoterIds(es[k].voters) + [voter.id] + AllVoterIds(es[k + 1..])
    ensures TotalVotes(ApplyVote(es, k, voter)) == TotalVotes(es) + 1
  {
    var e := es[k];
    var e' := e.AddVote(voter);
    var pre, post := es[..k], es[k + 1..];
    assert es == pre + [e] + post;
    var es' := ApplyVote(es, k, voter);
    assert es' == pre + [e'] + post by {
      assert |es'| == |pre + [e'] + post|;
      forall j | 0 <= j < |es'| ensures es'[j] == (pre + [e'] + post)[j] {
        if j < k {
          assert es'[j] == es[j] == pre[j];
        } else if j > k {
          assert es'[j] == es[j] == post[j - k - 1];
        }
      }
    }
    AllVoterIdsAround(pre, e, post);
    AllVoterIdsAround(pre, e', post);
    assert VoterIds(e'.voters) == VoterIds(e.voters) + [voter.id];
  }

  /** Every `add_vote` call keeps the round well formed. A vote that lands
      adds exactly one vote, and the set of voter ids grows by exactly the
      voter's id; a refusal changes nothing. */
  lemma {:induction false} CastVoteStep(es: seq<Submission>, voter: Player, id: string)
    requires WellFormed(es)
    ensures WellFormed(CastVote(es, voter, id))
    ensures VoteOutcome(es, voter, id).Failure? ==> CastVote(es, voter, id) == es
    ensures VoteOutcome(es, voter, id).Success? ==>
      && TotalVotes(CastVote(es, voter, id)) == TotalVotes(es) + 1
      && Elements(AllVoterIds(CastVote(es, voter, id))) == Elements(AllVoterIds(es)) + {voter.id}
  {
    var r := VoteOutcome(es, voter, id);
    VoteOutcomeMeaning(es, voter, id);
    if r.Success? {
      var k := r.value;
      var es' := ApplyVote(es, k, voter);
      ApplyVoteIds(es, k, voter);
      var p := AllVoterIds(es[..k]) + VoterIds(es[k].voters);
      var c := AllVoterIds(es[k + 1..]);
      NoDupInsert(p, c, voter.id);
      assert AllVoterIds(es') == p + [voter.id] + c;
      forall j | 0 <= j < |es'| ensures es'[j].player.id !in VoterIds(es'[j].voters) {
        if j == k {
          assert VoterIds(es'[j].voters) == VoterIds(es[k].voters) + [voter.id];
        }
      }
    }
  }

  /** A submission accepted into a well-formed round arrives with no voters
      and keeps the round well formed without changing the vote count. */
  lemma SubmitStep(es: seq<Submission>, e: Submission)
    requires WellFormed(es) && e.voters == []
    ensures WellFormed(es + [e])
    ensures AllVoterIds(es + [e]) == AllVoterIds(es) && TotalVotes(es + [e]) == TotalVotes(es)
  {
    AllVoterIdsConcat(es, [e]);
    assert AllVoterIds([e]) == [];
    assert TotalVotes([e]) == 0;
  }

  /** In a sequence without repeats there are as many distinct values as entries. */
  lemma {:induction false} DistinctCount<T>(s: seq<T>)
    requires NoDup(s)
    ensures |Elements(s)| == |s|
    decreases |s|
  {
    if s != [] {
      DistinctCount(s[1..]);
      assert Elements(s) == {s[0]} + Elements(s[1..]);
      assert s[0] !in Elements(s[1..]);
    }
  }

  /** In a well-formed round `num_votes` is the number of distinct players who voted. */
  lemma VotesAreDistinctVoters(es: seq<Submission>)
    ensures WellFormed(es) ==> TotalVotes(es) == |Elements(AllVoterIds(es))|
  {
    if WellFormed(es) {
      AllVoterIdsMeaning(es);
      DistinctCount(AllVoterIds(es));
    }
  }

  /** One thing that can happen to a round: a submission is accepted, or a
      player calls `add_vote`. */
  datatype Event = Submitted(entry: Submission) | Voted(voter: Player, id: string)

  /** The round after one event; an accepted submission starts with no voters. */
  function Step(es: seq<Submission>, ev: Event): seq<Submission>
  {
    match ev
    case Submitted(e) => es + [e.(voters := [])]
    case Voted(voter, id) => CastVote(es, voter, id)
  }

  /** The round after a whole history of events, in order. */
  function Replay(es: seq<Submission>, history: seq<Event>): seq<Submission>
    decreases |history|
  {
    if history == [] then es else Replay(Step(es, history[0]), history[1..])
  }

  /** Over any interleaving of submissions and `add_vote` calls, voter ids stay
      distinct across the round, nobody is among the voters of their own
      submission, and `num_votes` equals the number of distinct voters. */
  lemma {:induction false} ReplayWellFormed(es: seq<Submission>, history: seq<Event>)
    requires WellFormed(es)
    ensures WellFormed(Replay(es, history))
    ensures TotalVotes(Replay(es, history)) == |Elements(AllVoterIds(Replay(es, history)))|
    decreases |history|
  {
    if history == [] {
      VotesAreDistinctVoters(es);
    } else {
      match history[0] {
        case Submitted(e) => SubmitStep(es, e.(voters := []));
        case Voted(voter, id) => CastVoteStep(es, voter, id);
      }
      ReplayWellFormed(Step(es, history[0]), history[1..]);
    }
  }
}
