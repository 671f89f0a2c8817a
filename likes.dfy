/** The likes service: a candidate saves an approved offer once, removes the
    saved offer again, and lists what they saved, newest first. */
module Likes {
  import opened Common
  import opened Seqs
  import opened Users
  import opened Entities
  import opened Offers

  const OfferUnavailable := "Offer not found or not available"
  const AlreadyLiked := "You have already liked this offer"
  const LikeNotFound := "Like not found"

  /** Two rows of different (candidate, offer) pairs. */
  function DifferentPairs(a: Like, b: Like): bool
  {
    a.candidateId != b.candidateId || a.offerId != b.offerId
  }

  /** The table's unique constraint: one like per candidate and offer. */
  ghost predicate OnePerPair(likes: seq<Like>)
  {
    Pairwise(likes, DifferentPairs)
  }

  /** `findOne({ where: { candidateId, offerId } })`. */
  function FindLike(likes: seq<Like>, candidateId: string, offerId: string): (k: Option<nat>)
    ensures k.Some? ==> k.value < |likes| && likes[k.value].candidateId == candidateId
                        && likes[k.value].offerId == offerId
    ensures k.None? <==> forall i :: 0 <= i < |likes| ==>
                           likes[i].candidateId != candidateId || likes[i].offerId != offerId
  {
    FindFirst(likes, (l: Like) => l.candidateId == candidateId && l.offerId == offerId)
  }

  /** `like`: the offer must be approved, and not liked yet by the candidate. */
  function Liked(offers: seq<Offer>, likes: seq<Like>, offerId: string, candidateId: string, id: string,
                 now: Time): Result<Like, HttpError>
  {
    if FindApproved(offers, offerId).None? then Failure(NotFound(OfferUnavailable))
    else if FindLike(likes, candidateId, offerId).Some? then Failure(Conflict(AlreadyLiked))
    else Success(Like(id, candidateId, offerId, now))
  }

  /** `unlike`: NotFound when the candidate has no like of the offer. */
  function Unliked(likes: seq<Like>, offerId: string, candidateId: string): Result<(), HttpError>
  {
    if FindLike(likes, candidateId, offerId).None? then Failure(NotFound(LikeNotFound)) else Success(())
  }

  /** The table once `unlike` has removed the candidate's like of the offer. */
  function Removed(likes: seq<Like>, offerId: string, candidateId: string): (r: seq<Like>)
    ensures |r| <= |likes|
  {
    match FindLike(likes, candidateId, offerId)
    case None => likes
    case Some(k) => likes[..k] + likes[k + 1..]
  }

  function CandidateIs(userId: string): Like -> bool
  {
    (l: Like) => l.candidateId == userId
  }

  function LikedAt(l: Like): int
  {
    l.createdAt
  }

  /** `findMyLikes`: the user's likes, newest first. */
  function FindMyLikes(likes: seq<Like>, userId: string): (r: seq<Like>)
    ensures SortedDesc(r, LikedAt)
    ensures forall l :: l in r <==> l in likes && l.candidateId == userId
    ensures forall l :: l in likes ==> multiset(r)[l] == if l.candidateId == userId then multiset(likes)[l] else 0
  {
    var r := SortDesc(Filter(likes, CandidateIs(userId)), LikedAt);
    forall l | l in r ensures l in likes && l.candidateId == userId {
      assert l in multiset(r);
    }
    r
  }

  // ---------------------------------------------------------------------------
  // Properties

  /** `like` fails with NotFound exactly when no approved offer has the id,
      with Conflict exactly when the candidate already likes it, and otherwise
      answers the new row of the pair. */
  lemma LikeOutcomes(offers: seq<Offer>, likes: seq<Like>, offerId: string, candidateId: string, id: string,
                     now: Time)
    ensures var r := Liked(offers, likes, offerId, candidateId, id, now);
            (r == Failure(NotFound(OfferUnavailable)) <==>
               forall i :: 0 <= i < |offers| ==> offers[i].id != offerId || offers[i].status != Approved)
            && (r == Failure(Conflict(AlreadyLiked)) <==>
                  (exists i :: 0 <= i < |offers| && offers[i].id == offerId && offers[i].status == Approved)
                  && exists j :: 0 <= j < |likes| && likes[j].candidateId == candidateId
                                 && likes[j].offerId == offerId)
            && (r.Success? ==> r.value == Like(id, candidateId, offerId, now))
  {
    var a := FindApproved(offers, offerId);
    if a.Some? {
      assert offers[a.value].id == offerId && offers[a.value].status == Approved;
    }
    var f := FindLike(likes, candidateId, offerId);
    if f.Some? {
      assert likes[f.value].candidateId == candidateId && likes[f.value].offerId == offerId;
    }
  }

  /** A successful like keeps one like per pair. */
  lemma LikeKeepsOnePerPair(offers: seq<Offer>, likes: seq<Like>, offerId: string, candidateId: string,
                            id: string, now: Time)
    requires OnePerPair(likes)
    ensures var r := Liked(offers, likes, offerId, candidateId, id, now);
            OnePerPair(likes + if r.Success? then [r.value] else [])
  {
    var r := Liked(offers, likes, offerId, candidateId, id, now);
    var next := likes + if r.Success? then [r.value] else [];
    forall i, j | 0 <= i < j < |next| ensures DifferentPairs(next[i], next[j]) {
      assert next[i] == likes[i];
      if j < |likes| {
        assert next[j] == likes[j];
      }
    }
  }

  /** `unlike` fails exactly when the pair has no like; otherwise it removes
      that one row, after which the pair has none. */
  lemma UnlikeOutcomes(likes: seq<Like>, offerId: string, candidateId: string)
    requires OnePerPair(likes)
    ensures var r := Unliked(likes, offerId, candidateId);
            var after := Removed(likes, offerId, candidateId);
            (r.Failure? <==> forall i :: 0 <= i < |likes| ==>
                               likes[i].candidateId != candidateId || likes[i].offerId != offerId)
            && (r.Failure? ==> r.error == NotFound(LikeNotFound) && after == likes)
            && (r.Success? ==> |after| == |likes| - 1
                               && (exists k :: 0 <= k < |likes| && likes[k].candidateId == candidateId
                                               && likes[k].offerId == offerId
                                               && multiset(after) + multiset{likes[k]} == multiset(likes))
                               && forall i :: 0 <= i < |after| ==>
                                    after[i].candidateId != candidateId || after[i].offerId != offerId)
  {
    var f := FindLike(likes, candidateId, offerId);
    if f.Some? {
      var k := f.value;
      var after := Removed(likes, offerId, candidateId);
      assert likes == likes[..k] + [likes[k]] + likes[k + 1..];
      assert multiset(after) + multiset{likes[k]} == multiset(likes);
      forall i | 0 <= i < |after| ensures after[i].candidateId != candidateId || after[i].offerId != offerId {
        if i < k {
          assert after[i] == likes[i] && DifferentPairs(likes[i], likes[k]);
        } else {
          assert after[i] == likes[i + 1] && DifferentPairs(likes[k], likes[i + 1]);
        }
      }
    }
  }

  /** Removing a row keeps one like per pair. */
  lemma UnlikeKeepsOnePerPair(likes: seq<Like>, offerId: string, candidateId: string)
    requires OnePerPair(likes)
    ensures OnePerPair(Removed(likes, offerId, candidateId))
  {
    var f := FindLike(likes, candidateId, offerId);
    if f.Some? {
      var k := f.value;
      var after := Removed(likes, offerId, candidateId);
      forall i, j | 0 <= i < j < |after| ensures DifferentPairs(after[i], after[j]) {
        var i' := if i < k then i else i + 1;
        var j' := if j < k then j else j + 1;
        assert after[i] == likes[i'] && after[j] == likes[j'];
      }
    }
  }

  /** A like undone by an unlike of the same pair leaves the table as it was. */
  lemma {:induction false} UnlikeUndoesLike(offers: seq<Offer>, likes: seq<Like>, offerId: string,
                                            candidateId: string, id: string, now: Time)
    requires Liked(offers, likes, offerId, candidateId, id, now).Success?
    ensures var next := likes + [Liked(offers, likes, offerId, candidateId, id, now).value];
            Unliked(next, offerId, candidateId).Success? && Removed(next, offerId, candidateId) == likes
  {
    var row := Like(id, candidateId, offerId, now);
    var next := likes + [row];
    assert FindLike(likes, candidateId, offerId).None?;
    assert next[|likes|] == row;
    assert forall i :: 0 <= i < |likes| ==> next[i] == likes[i];
    assert next[..|likes|] == likes;
  }

  // ---------------------------------------------------------------------------
  // The service

  class LikesService {
    var likes: seq<Like>
    const offers: OffersService

    ghost predicate Valid()
      reads this
    {
      OnePerPair(likes)
    }

    constructor (offers: OffersService)
      ensures Valid() && likes == [] && this.offers == offers
    {
      this.offers := offers;
      likes := [];
    }

    /** `like`, for candidates. */
    method Like(offerId: string, user: UserRow, id: string, now: Time) returns (r: Result<Like, HttpError>)
      requires Valid()
      requires user.details.role == Candidate
      modifies this
      ensures Valid()
      ensures r == Liked(offers.offers, old(likes), offerId, user.id, id, now)
      ensures likes == old(likes) + if r.Success? then [r.value] else []
    {
      LikeKeepsOnePerPair(offers.offers, likes, offerId, user.id, id, now);
      var offer := FindApproved(offers.offers, offerId);
      if offer.None? {
        return Failure(NotFound(OfferUnavailable));
      }
      var existing := FindLike(likes, user.id, offerId);
      if existing.Some? {
        return Failure(Conflict(AlreadyLiked));
      }
      var like := Entities.Like(id, user.id, offerId, now);
      likes := likes + [like];
      r := Success(like);
    }

    /** `unlike`, for candidates. */
    method Unlike(offerId: string, user: UserRow) returns (r: Result<(), HttpError>)
      requires Valid()
      requires user.details.role == Candidate
      modifies this
      ensures Valid()
      ensures r == Unliked(old(likes), offerId, user.id)
      ensures likes == Removed(old(likes), offerId, user.id)
    {
      UnlikeKeepsOnePerPair(likes, offerId, user.id);
      var like := FindLike(likes, user.id, offerId);
      if like.None? {
        return Failure(NotFound(LikeNotFound));
      }
      likes := likes[..like.value] + likes[like.value + 1..];
      r := Success(());
    }
  }
}
