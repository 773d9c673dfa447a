/** `Submission`: one accepted phrase with its image, its id and the players
    who voted for it, and the random id `Submission.gen_img` gives it. */
module Submissions {
  import opened Wrappers
  import opened Domain
  import opened Text

  /** `k=8` in the id draw of `Submission.gen_img`. */
  const IdLength := 8

  /** `string.ascii_letters + string.digits`, the alphabet of submission ids. */
  function IdAlphabet(): (s: string)
    ensures |s| == 62
    ensures forall i :: 0 <= i < 26 ==> s[i] == (0x61 + i) as char
    ensures forall i :: 26 <= i < 52 ==> s[i] == (0x41 + i - 26) as char
    ensures forall i :: 52 <= i < 62 ==> s[i] == (0x30 + i - 52) as char
  {
    AsciiLowercase() + AsciiUppercase() + Digits()
  }

  /** An ASCII letter or digit. */
  predicate IsIdChar(c: char) {
    ('a' <= c && c <= 'z') || ('A' <= c && c <= 'Z') || ('0' <= c && c <= '9')
  }

  /** The draws behind one `random.choices(..., k=8)`: eight indices into the alphabet. */
  predicate ValidIdDraw(picks: seq<nat>) {
    |picks| == IdLength && forall i :: 0 <= i < |picks| ==> picks[i] < |IdAlphabet()|
  }

  /** The id `Submission.gen_img` builds from the given draws. */
  function GenId(picks: seq<nat>): (id: string)
    requires ValidIdDraw(picks)
    ensures |id| == IdLength
    ensures forall i :: 0 <= i < |id| ==> IsIdChar(id[i])
  {
    seq(|picks|, i requires 0 <= i < |picks| => IdAlphabet()[picks[i]])
  }

  /** The position of an id character in the alphabet. */
  function IdIndex(c: char): (k: nat)
    requires IsIdChar(c)
    ensures k < |IdAlphabet()| && IdAlphabet()[k] == c
  {
    if 'a' <= c && c <= 'z' then c as int - 0x61
    else if 'A' <= c && c <= 'Z' then c as int - 0x41 + 26
    else c as int - 0x30 + 52
  }

  /** Every eight-character string of ASCII letters and digits is a possible
      id: the draw is onto exactly that set. */
  lemma GenIdCovers(id: string)
    requires |id| == IdLength && forall i :: 0 <= i < |id| ==> IsIdChar(id[i])
    ensures ValidIdDraw(seq(|id|, i requires 0 <= i < |id| => IdIndex(id[i])))
    ensures GenId(seq(|id|, i requires 0 <= i < |id| => IdIndex(id[i]))) == id
  {
    var picks := seq(|id|, i requires 0 <= i < |id| => IdIndex(id[i]));
    assert forall i :: 0 <= i < |id| ==> GenId(picks)[i] == id[i];
  }

  /** The voters' ids, in the order the votes came. */
  function VoterIds(voters: seq<Player>): (ids: seq<UserId>)
    ensures |ids| == |voters|
    ensures forall i :: 0 <= i < |voters| ==> ids[i] == voters[i].id
  {
    seq(|voters|, i requires 0 <= i < |voters| => voters[i].id)
  }

  /** One submission: its owner, phrase, image (None when the image service
      returned nothing), id and the players who voted for it, in the order
      their votes arrived. */
  datatype Submission = Submission(player: Player, text: string, image: Option<Bytes>, id: string, voters: seq<Player>)
  {
    /** `voter_user_ids`: one id per vote, in arrival order. */
    function VoterUserIds(): (ids: seq<UserId>)
      ensures |ids| == |voters|
      ensures forall i :: 0 <= i < |voters| ==> ids[i] == voters[i].id
    {
      VoterIds(voters)
    }

    /** `num_votes`. */
    function NumVotes(): (n: nat)
      ensures n == |VoterUserIds()|
    {
      |voters|
    }

    /** `add_vote(player)`: the voter goes at the end of the voters and
        nothing else about the submission changes. */
    function AddVote(p: Player): (s: Submission)
      ensures s.player == player && s.text == text && s.image == image && s.id == id
      ensures s.voters == voters + [p]
      ensures s.VoterUserIds() == VoterUserIds() + [p.id]
      ensures s.NumVotes() == NumVotes() + 1
    {
      assert VoterIds(voters + [p]) == VoterIds(voters) + [p.id];
      this.(voters := voters + [p])
    }
  }

  /** `Submission.gen_img(player, text)`: the image service runs first and
      an exception from it propagates; otherwise a submission with the
      drawn id and no voters. */
  function Generate(player: Player, text: string, render: RenderOutcome, idPicks: seq<nat>): (r: Result<Submission, Error>)
    requires ValidIdDraw(idPicks)
    ensures r.Failure? <==> render.Raised?
    ensures r.Failure? ==> r.error == ImageFailed
    ensures r.Success? ==>
      && r.value.player == player && r.value.text == text && r.value.voters == []
      && r.value.image == ImageOf(render) && r.value.id == GenId(idPicks)
      && |r.value.id| == IdLength && forall i :: 0 <= i < IdLength ==> IsIdChar(r.value.id[i])
  {
    if render.Raised? then Failure(ImageFailed)
    else Success(Submission(player, text, ImageOf(render), GenId(idPicks), []))
  }
}
